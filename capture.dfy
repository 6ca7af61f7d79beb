// Capture resolution: which opponent stones a placement removes
// (capture_after_move) and the board after the move (check_next_board).
module Capture {
  import opened Seqs
  import opened Board
  import opened Groups

  /** No stone of g keeps a liberty, each probed with check_liberty for
      colour o on `next`. */
  ghost predicate Dead(next: Board, g: set<Pos>, o: int) {
    forall s | s in g :: LibertiesAt(next, s, o) == {}
  }

  /** The stones of the dead groups among gs. */
  ghost function Captured(next: Board, o: int, gs: set<set<Pos>>): set<Pos> {
    set g, s | g in gs && Dead(next, g, o) && s in g :: s
  }

  lemma CapturedInsert(next: Board, o: int, gs: set<set<Pos>>, g: set<Pos>)
    ensures Captured(next, o, gs + {g}) == Captured(next, o, gs) + (if Dead(next, g, o) then g else {})
  {
  }

  /** What capture_after_move returns, as a set: the opponent groups of the
      board before the move whose stones all lack a liberty once c is placed
      at p. */
  ghost function CaptureSet(b: Board, p: Pos, c: Color): set<Pos> {
    Captured(Place(b, p, c), Opponent(c), AllGroups(b, Opponent(c)))
  }

  /** Only opponent stones are ever captured: the placed stone and the
      placing player's own stones are never tested or removed. */
  lemma CaptureOnlyOpponent(b: Board, p: Pos, c: Color)
    ensures forall q | q in CaptureSet(b, p, c) :: At(b, q) == Opponent(c)
    ensures At(b, p) == EMPTY ==> p !in CaptureSet(b, p, c)
  {
    var o := Opponent(c);
    forall q | q in CaptureSet(b, p, c) ensures At(b, q) == o {
      var g :| g in AllGroups(b, o) && Dead(Place(b, p, c), g, o) && q in g;
      GroupInStones(b, o, g);
    }
  }

  /** On an empty move cell, capture_after_move takes exactly the opponent
      groups left without an empty neighbour once the stone is placed. */
  lemma CaptureMeaning(b: Board, p: Pos, c: Color)
    requires At(b, p) == EMPTY
    ensures CaptureSet(b, p, c) ==
      set g, s | g in AllGroups(b, Opponent(c)) && Liberties(Place(b, p, c), g) == {} && s in g :: s
  {
    var o := Opponent(c);
    var next := Place(b, p, c);
    forall q: Pos ensures (At(next, q) == o) == (At(b, q) == o) {
    }
    forall g | g in AllGroups(b, o) ensures Dead(next, g, o) <==> Liberties(next, g) == {} {
      GroupsPartition(b, o);
      forall s | s in g ensures LibertiesAt(next, s, o) == Liberties(next, g) {
        GroupInStones(b, o, g);
        assert At(b, s) == o;
        BoardExt(Place(next, s, o), next);
        GroupSameMask(next, b, s, o);
      }
      var s0 :| s0 in g;
    }
  }

  /** What check_next_board returns: the stone placed, then every captured
      cell emptied. */
  ghost function NextBoard(b: Board, p: Pos, c: Color): Board {
    Clear(Place(b, p, c), CaptureSet(b, p, c))
  }

  /** The resulting board equals the current one except that the move cell
      holds c and the captured cells are empty. */
  lemma NextBoardCells(b: Board, p: Pos, c: Color)
    ensures forall q: Pos ::
              At(NextBoard(b, p, c), q) ==
              (if q in CaptureSet(b, p, c) then EMPTY else if q == p then c else At(b, q))
    ensures At(b, p) == EMPTY ==> At(NextBoard(b, p, c), p) == c
  {
    CaptureOnlyOpponent(b, p, c);
  }

  /** The loop of capture_after_move over one group: does some stone of it
      still have a liberty? Stops at the first one that does. */
  method GroupHasLiberty(next: Board, group: seq<Pos>, o: int) returns (hasLiberty: bool)
    ensures hasLiberty <==> !Dead(next, Elems(group), o)
  {
    hasLiberty := false;
    for k := 0 to |group|
      invariant !hasLiberty
      invariant forall j | 0 <= j < k :: LibertiesAt(next, group[j], o) == {}
    {
      var liberty := CheckLiberty(next, group[k], o);
      if liberty != [] {
        assert liberty[0] in LibertiesAt(next, group[k], o);
        assert group[k] in Elems(group);
        hasLiberty := true;
        break;
      }
    }
    if !hasLiberty {
      forall s | s in Elems(group) ensures LibertiesAt(next, s, o) == {} {
        var j :| 0 <= j < |group| && group[j] == s;
      }
    }
  }

  /** capture_after_move. */
  method CaptureAfterMove(b: Board, p: Pos, c: Color) returns (captured: seq<Pos>)
    ensures Elems(captured) == CaptureSet(b, p, c)
  {
    captured := [];
    var next := Place(b, p, c);
    var o := 3 - c;
    var groups := FindAllConnectGroup(b, o);
    for i := 0 to |groups|
      invariant Elems(captured) == Captured(next, o, ElemSets(groups[..i]))
    {
      var group := groups[i];
      var hasLiberty := GroupHasLiberty(next, group, o);
      assert groups[..i + 1] == groups[..i] + [group];
      assert ElemSets(groups[..i + 1]) == ElemSets(groups[..i]) + {Elems(group)};
      CapturedInsert(next, o, ElemSets(groups[..i]), Elems(group));
      if !hasLiberty {
        captured := captured + group;
      }
    }
    assert groups[..|groups|] == groups;
  }

  /** check_next_board. */
  method CheckNextBoard(b: Board, p: Pos, c: Color) returns (next: Board)
    ensures next == NextBoard(b, p, c)
  {
    next := Place(b, p, c);
    var captured := CaptureAfterMove(b, p, c);
    assert Elems(captured[..0]) == {};
    BoardExt(next, Clear(Place(b, p, c), {}));
    for i := 0 to |captured|
      invariant next == Clear(Place(b, p, c), Elems(captured[..i]))
    {
      var q := captured[i];
      assert Elems(captured[..i + 1]) == Elems(captured[..i]) + {q};
      BoardExt(Place(next, q, EMPTY), Clear(Place(b, p, c), Elems(captured[..i + 1])));
      next := Place(next, q, EMPTY);
    }
    assert captured[..|captured|] == captured;
  }
}
