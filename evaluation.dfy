// The static evaluator (evaluate_board): stone counts with komi, the
// opponent's liberties and the difference of the largest groups.
module Scoring {
  import opened Seqs
  import opened Board
  import opened Groups

  /** The komi credited to the player with colour number 2. */
  const KOMI: real := 2.5

  /** How many cells of a row hold v. */
  function CountRow(row: seq<int>, v: int): nat {
    if row == [] then 0
    else CountRow(row[..|row| - 1], v) + (if row[|row| - 1] == v then 1 else 0)
  }

  /** How many cells of the rows hold v. */
  function CountRows(rows: seq<seq<int>>, v: int): nat {
    if rows == [] then 0
    else CountRows(rows[..|rows| - 1], v) + CountRow(rows[|rows| - 1], v)
  }

  lemma CountRowStep(row: seq<int>, v: int, k: int)
    requires 0 <= k < |row|
    ensures CountRow(row[..k + 1], v) == CountRow(row[..k], v) + (if row[k] == v then 1 else 0)
  {
    assert row[..k + 1][..k] == row[..k];
  }

  lemma CountRowBack(row: seq<int>, v: int, k: int)
    requires 0 < k <= |row|
    ensures CountRow(row[..k], v) == CountRow(row[..k - 1], v) + (if row[k - 1] == v then 1 else 0)
  {
    assert row[..k][..k - 1] == row[..k - 1];
  }

  lemma CountRowsStep(rows: seq<seq<int>>, v: int, r: int)
    requires 0 <= r < |rows|
    ensures CountRows(rows[..r + 1], v) == CountRows(rows[..r], v) + CountRow(rows[r], v)
  {
    assert rows[..r + 1][..r] == rows[..r];
  }

  /** The scan of the first i cells extends the scan of the first i - 1
      by the cell (r, c), the i-th in row-major order. */
  lemma ScanStepBack(b: Board, v: int, i: nat, r: Coord, c: Coord)
    requires i == 5 * r + c + 1
    ensures Scan(b, v, i) == Scan(b, v, i - 1) + (if b[r][c] == v then [Pos(r, c)] else [])
  {
    CellAtIndex(Pos(r, c));
  }

  /** One more cell of row r, on both sides of ScanCountRow. */
  lemma ScanCountCell(b: Board, v: int, r: Coord, k: nat, n: nat, i: nat)
    requires 0 < k <= 5 && n == 5 * r && i == n + k
    requires |Scan(b, v, i - 1)| == |Scan(b, v, n)| + CountRow(b[r][..k - 1], v)
    ensures |Scan(b, v, i)| == |Scan(b, v, n)| + CountRow(b[r][..k], v)
  {
    ScanStepBack(b, v, i, r, k - 1);
    CountRowBack(b[r], v, k);
  }

  /** Within row r, which starts at row-major index n, the scan meets as
      many further cells holding v as the count of the row's first k cells. */
  lemma {:induction false} ScanCountRow(b: Board, v: int, r: Coord, k: nat, n: nat, i: nat)
    requires k <= 5 && n == 5 * r && i == n + k
    ensures |Scan(b, v, i)| == |Scan(b, v, n)| + CountRow(b[r][..k], v)
    decreases k
  {
    if k == 0 {
      assert b[r][..0] == [];
    } else {
      ScanCountRow(b, v, r, k - 1, n, i - 1);
      ScanCountCell(b, v, r, k, n, i);
    }
  }

  /** The scan of the first r rows, which end at row-major index n, meets as
      many cells holding v as the row-by-row count. */
  lemma {:induction false} ScanCount(b: Board, v: int, r: nat, n: nat)
    requires r <= 5 && n == 5 * r
    ensures |Scan(b, v, n)| == CountRows(b[..r], v)
    decreases r
  {
    if r > 0 {
      ScanCount(b, v, r - 1, n - 5);
      ScanCountRow(b, v, r - 1, 5, n - 5, n);
      assert b[r - 1][..5] == b[r - 1];
      CountRowsStep(b, v, r - 1);
    }
  }

  /** The count of the rows is the number of cells holding v. */
  lemma CountIsStones(b: Board, v: int)
    ensures CountRows(b, v) == |Stones(b, v)|
  {
    ScanCount(b, v, 5, CELLS);
    assert b[..5] == b;
    ScanAll(b, v);
    DistinctCard(Scan(b, v, CELLS));
    StonesScanned(b, v);
    assert Elems(Scan(b, v, CELLS)) == Stones(b, v);
  }

  /** A player's material: stones on the board, plus komi when the player's
      colour number is 2. */
  function Material(b: Board, v: int): real {
    CountRows(b, v) as real + (if v == 2 then KOMI else 0.0)
  }

  /** What evaluate_board returns for colour c: material difference, minus
      twice the opponent's liberties, plus half the difference of the
      largest groups. */
  ghost function Evaluation(b: Board, c: Color): real {
    var o := Opponent(c);
    (Material(b, c) - Material(b, o))
    - 2.0 * |Liberties(b, Stones(b, o))| as real
    + 0.5 * (MaxGroupSize(b, c) as int - MaxGroupSize(b, o) as int) as real
  }

  /** Swapping sides negates everything except the liberty terms: the two
      evaluations of one board add up to minus twice all liberties. */
  lemma EvaluationSides(b: Board, c: Color)
    ensures Evaluation(b, c) + Evaluation(b, Opponent(c)) ==
            -2.0 * (|Liberties(b, Stones(b, c))| + |Liberties(b, Stones(b, Opponent(c)))|) as real
  {
  }

  /** The komi goes to colour 2 whichever side evaluates: on a board with
      no stone at all the score is +2.5 for colour 2 and -2.5 for colour 1. */
  lemma {:induction false} EvaluationEmptyBoard(b: Board, c: Color)
    requires forall q: Pos :: At(b, q) == EMPTY
    ensures Evaluation(b, c) == if c == 2 then KOMI else -KOMI
  {
    var o := Opponent(c);
    CountIsStones(b, c);
    CountIsStones(b, o);
    forall v: Color ensures Stones(b, v) == {} && AllGroups(b, v) == {} {
      assert forall s | s in Stones(b, v) :: At(b, s) == v;
    }
    assert Liberties(b, Stones(b, o)) == {};
  }

  /** The two counting loops of evaluate_board over one row. */
  method CountInRow(row: seq<int>, c: Color) returns (my: nat, opp: nat)
    ensures my == CountRow(row, c) && opp == CountRow(row, Opponent(c))
  {
    my, opp := 0, 0;
    for k := 0 to |row|
      invariant my == CountRow(row[..k], c) && opp == CountRow(row[..k], Opponent(c))
    {
      var cell := row[k];
      CountRowStep(row, c, k);
      CountRowStep(row, Opponent(c), k);
      if cell == c {
        my := my + 1;
      } else if cell == 3 - c {
        opp := opp + 1;
      }
    }
    assert row[..|row|] == row;
  }

  /** The counting loops of evaluate_board over the whole board. */
  method CountInBoard(b: Board, c: Color) returns (my: nat, opp: nat)
    ensures my == CountRows(b, c) && opp == CountRows(b, Opponent(c))
  {
    my, opp := 0, 0;
    for r := 0 to 5
      invariant my == CountRows(b[..r], c) && opp == CountRows(b[..r], Opponent(c))
    {
      var rowMy, rowOpp := CountInRow(b[r], c);
      CountRowsStep(b, c, r);
      CountRowsStep(b, Opponent(c), r);
      my, opp := my + rowMy, opp + rowOpp;
    }
    assert b[..5] == b;
  }

  /** evaluate_board. The liberties of the player's own groups are
      computed and never used, as in the source. */
  method EvaluateBoard(b: Board, c: Color) returns (score: real)
    ensures score == Evaluation(b, c)
  {
    var komi := KOMI;
    var o := 3 - c;
    var myLiberty := FindAllLiberty(b, c);
    var opponentLiberty := FindAllLiberty(b, o);
    var myConnectedness := CheckConnectedness(b, c);
    var opponentConnectedness := CheckConnectedness(b, o);
    var my, opp := CountInBoard(b, c);
    var myScore := my as real;
    var opponentScore := opp as real;
    if c == 2 {
      myScore := myScore + komi;
    }
    if o == 2 {
      opponentScore := opponentScore + komi;
    }
    DistinctCard(opponentLiberty);
    score := (myScore - opponentScore) - 2.0 * |opponentLiberty| as real
             + 0.5 * (myConnectedness as int - opponentConnectedness as int) as real;
  }
}
